# Payment tracker: a Dafny model of its reports, stores and display rules

This project models the logic of a small personal-finance tracker. In the
tracker, transactions (income and expenses) and monthly budgets live in two
MongoDB collections. Next.js route handlers answer these requests:

- budget-vs-actual comparisons;
- monthly spending insights;
- chart series;
- posting and listing of budgets and of transactions.

React components turn the replies into labels, totals and cards.

The model treats every database query as a pure function over a sequence of
records. Amounts are `real`s and dates are `(year, month, day)` triples. The
clock ("now"), request bodies and the outcome of a save are parameters.

The modules follow the program's structure:

- **Records**: the record shapes of `src/types/index.ts`, the `Reply` of a
  route (OK body or 400 with its message), and the shared constants.
- **Sorting**: stable-insertion sort as a function (`SortBy`) and an in-place
  array sort (`SortInPlace`), with sortedness, permutation and stability
  proved; the in-place sort yields exactly `SortBy` of its input.
- **Calendar**: the Gregorian month lengths, the JavaScript `Date`
  constructor's month normalisation and day-0 rule, the month windows, the
  previous month, and "now less twelve months".
- **Text**: `String(n)`, `padStart`, `parseInt` with no radix (leading white
  space skipped, an optional sign, `0x`/`0X` for base 16, then the longest run
  of digits), code-point string order, and the abstract view of an amount
  text field.
- **Grouping**: the aggregation stages `$match`, `$group` with `$sum`, and
  `find` over groups.
- **BudgetVsActualRoute**, **InsightsRoute**, **ChartsRoute**: the three
  report routes.
- **BudgetsRoute**: the budget store, a class holding the budget sequence.
  POST updates a budget in place or appends one, keyed by (category, month,
  year).
- **TransactionsRoute**: the transaction store. POST validates and appends;
  GET lists by date, newest first.
- **CategoryBreakdown**, **RecentTransactionsSummary**, **BudgetVsActualChart**,
  **SpendingInsightsComponent**: the display rules of the four cards.
- **BudgetForm**, **TransactionForm**: the client-side checks, the body each
  form sends, and the dialog state around a save.
- **Dashboard**: the page's view choice and its income, expense and
  net-balance figures.

## Model

| member | source | states |
|---|---|---|
| BudgetVsActualRoute.Get | src/app/api/budget-vs-actual/route.ts:10-15 | A missing month or year gives 400 "Month and year are required"; otherwise the reply is the comparison rows |
| BudgetVsActualRoute.Comparison | src/app/api/budget-vs-actual/route.ts:51-73 | The rows begin with one row per budget of the period, in the budgets' order, carrying that budget's category and amount; the spending rows follow |
| BudgetVsActualRoute.PushUnbudgeted | src/app/api/budget-vs-actual/route.ts:63-73 | The `forEach` loop appends exactly the unbudgeted row of each group without a budget, in group order |
| BudgetVsActualRoute.MonthExpensesExact | src/app/api/budget-vs-actual/route.ts:26-48 | A transaction counts iff it is an expense in the calendar month that the constructor's window normalises to; for a month 1..12 and a year outside 0..99, that is exactly the month asked for; a NaN month or year admits nothing |
| BudgetVsActualRoute.BudgetRows | src/app/api/budget-vs-actual/route.ts:51-60 | One row per budget of the period |
| BudgetVsActualRoute.BudgetRowsMatch | src/app/api/budget-vs-actual/route.ts:51-60 | The first rows are the period's budgets in order. Category and budget are copied. Actual is the category's month sum (0 without spending) and difference is budget - actual. Percentage is actual/budget*100 when the category has spending, else 0 |
| BudgetVsActualRoute.UnbudgetedRowsMatch | src/app/api/budget-vs-actual/route.ts:62-73 | Each appended row has budget 0, percentage 0 and difference -actual. It belongs to a spending category without a budget and carries that category's month sum. The appended categories are distinct, and every spending category without a budget has one |
| BudgetVsActualRoute.RowsDifference | src/app/api/budget-vs-actual/route.ts:57-69 | Every row has difference == budget - actual |
| BudgetVsActualRoute.ComparisonCategories | src/app/api/budget-vs-actual/route.ts:51-73 | The set of row categories is the union of the budget categories and the spending categories. The row count is the number of budgets plus the number of spending categories without a budget |
| BudgetVsActualRoute.CategoriesOfShape | src/app/api/budget-vs-actual/route.ts:51-73 | Any rows shaped like the reply have the union of categories and that count |
| BudgetVsActualRoute.UnbudgetedRowsFrom | src/app/api/budget-vs-actual/route.ts:63-72 | Every appended row is the row of a group with no budget |
| BudgetVsActualRoute.UnbudgetedRowsCover | src/app/api/budget-vs-actual/route.ts:63-72 | Every group with no budget has its row appended |
| BudgetVsActualRoute.UnbudgetedRowsDistinct | src/app/api/budget-vs-actual/route.ts:63-72 | Groups with distinct keys give appended rows with distinct categories |
| BudgetVsActualRoute.UnbudgetedOfGroups | src/app/api/budget-vs-actual/route.ts:41-73 | Over the grouped month expenses, the appended rows are exactly one per unbudgeted spending category, holding its sum |
| Calendar.DaysInMonth | src/app/api/budget-vs-actual/route.ts:27 | Month length is 28..31, and 29 exactly for February of a Gregorian leap year |
| Calendar.FullYear | src/app/api/budget-vs-actual/route.ts:26-27 | The Date constructor's year: a year 0..99 becomes 1900..1999, any other year is kept, so the result is never a two-digit year and keeps the last two digits |
| Calendar.NormalizeMonth | src/app/api/budget-vs-actual/route.ts:26-27 | The (year, month 1..12) that a month index overflowing either way lands in, counted in months |
| Calendar.NormalizeMonthUnique | src/app/api/budget-vs-actual/route.ts:26-27 | The normalised month is the only valid month at that month count |
| Calendar.LocalDate | src/app/api/budget-vs-actual/route.ts:26-27 | `new Date(y, m, d)` always yields a valid calendar date |
| Calendar.DateFrom | src/app/api/budget-vs-actual/route.ts:26-27 | A year, a possibly out-of-range month index and a day 0..31 always resolve to a valid calendar date; day 0 is the last day of a month, and a day 1..28 is kept as it is |
| Calendar.MonthBounds | src/app/api/budget-vs-actual/route.ts:26-27 | For a month 1..12 the window runs from day 1 to the last day of that month, in the constructor's year |
| Calendar.MonthWindowExact | src/app/api/insights/route.ts:18-19 | A valid date lies in the window iff it falls in the normalised calendar month |
| Calendar.PreviousMonth | src/app/api/insights/route.ts:14-15 | The month before, one month earlier in month count, always in 1..12 |
| Calendar.TwelveMonthsBefore | src/app/api/charts/route.ts:17 | "Now less twelve months" is a valid date |
| Calendar.TwelveMonthsBeforeDate | src/app/api/charts/route.ts:17 | It is the same day a year earlier, except that 29 February becomes 1 March |
| Calendar.DateOrderTotal | src/app/api/transactions/route.ts:10 | Newest-first date order is a total preorder |
| InsightsRoute.MonthSpendingExact | src/app/api/insights/route.ts:18-28 | A month window holds exactly that calendar month's expenses |
| InsightsRoute.InsightsWindows | src/app/api/insights/route.ts:9-19 | The current figures count this month's expenses. The last-month figures count the previous month's: December of the year before when the month is January, otherwise month - 1 |
| InsightsRoute.Insights | src/app/api/insights/route.ts:8-157 | The reply holds this month's expense total and expense count, at most five top categories, and one adherence entry per budget of the month |
| InsightsRoute.SummaryDefaults | src/app/api/insights/route.ts:30-37 | The `_id: null` summary read with its zero defaults is the total, the record count and the number of distinct categories present, each 0 for no records. Records without a category are not counted, as `$addToSet` skips a missing field |
| InsightsRoute.InsightsTotals | src/app/api/insights/route.ts:138-157 | The reply's current and last totals are the month sums (0 with no expenses). Its count is the number of the current month's expenses and categoriesUsed the number of distinct categories present among them, records without a category not counted. The change and the average are taken from those figures |
| InsightsRoute.MonthOverMonthInverse | src/app/api/insights/route.ts:140 | With last > 0 the current total is last * (1 + change/100); otherwise the change is 0 |
| InsightsRoute.AverageInverse | src/app/api/insights/route.ts:154-156 | With total > 0 and count > 0, average * count == total; otherwise the average is 0 |
| InsightsRoute.TopCategoriesExact | src/app/api/insights/route.ts:73-87 | There are min(5, number of categories) entries. Amounts are non-increasing and categories distinct. Each entry holds its category's month sum and a positive count |
| InsightsRoute.TopCategoriesDominate | src/app/api/insights/route.ts:80-85 | No category left out of the top five outspends a listed one |
| InsightsRoute.AdherenceExact | src/app/api/insights/route.ts:89-134 | There is one entry per budget of the padded current month and year, in order, and every such budget is included. Spent is the month sum (0 without spending). Adherence is spent/budget*100 for budget > 0, else 0. On-track holds iff spent <= budget |
| ChartsRoute.RecentExpensesExact | src/app/api/charts/route.ts:13-19 | The monthly series counts exactly the expenses dated on or after now less twelve months |
| ChartsRoute.MonthOrderTotal | src/app/api/charts/route.ts:31 | The (year, month) ascending order is a total preorder |
| ChartsRoute.MonthlyGroupsExact | src/app/api/charts/route.ts:21-32 | There is one group per (year, month) that has a recent expense, holding its sum; empty months are not filled in. The groups are strictly ascending by (year, month) |
| ChartsRoute.MonthlyExpensesLabels | src/app/api/charts/route.ts:37-40 | Each point carries its group's label and sum |
| ChartsRoute.MonthlyExpenses | src/app/api/charts/route.ts:10-40 | One point per calendar month that has an expense dated in the trailing twelve months |
| ChartsRoute.MonthLabelParts | src/app/api/charts/route.ts:38 | The label ends in "-MM". It parses back to the year, and its last two characters parse back to the month |
| ChartsRoute.MonthLabelInjective | src/app/api/charts/route.ts:38 | Distinct months get distinct labels |
| ChartsRoute.CategoryLabel | src/app/api/charts/route.ts:61 | An absent or empty category shows as "Other" and no other value becomes empty |
| ChartsRoute.FindColor | src/app/api/charts/route.ts:59 | The colour of the first table entry with that name, None when there is none |
| ChartsRoute.ColorOfPredefined | src/constants/categories.ts:1-12 | Every predefined name gets its own entry's colour |
| ChartsRoute.ColorOfFallback | src/app/api/charts/route.ts:63 | A name outside the table gets "#AED6F1", which is also the colour of "Other" |
| ChartsRoute.CategoryExpensesExact | src/app/api/charts/route.ts:42-65 | There is one row per distinct stored category value of all expenses. Each row holds that value's sum, its label and the label's colour, and every expense's value has a row |
| ChartsRoute.CategoryExpenses | src/app/api/charts/route.ts:42-65 | One row per distinct category value of all stored expenses, none with an empty label |
| ChartsRoute.Charts | src/app/api/charts/route.ts:10-70 | The reply carries one monthly point per month with a recent expense and one category row per category value of the expenses |
| ChartsRoute.TwoOtherRows | src/app/api/charts/route.ts:50-61 | Relabelling after grouping gives two rows labelled "Other" when some expenses lack a category and others are stored as "Other" |
| BudgetsRoute.FindKey | src/app/api/budgets/route.ts:38-42 | The first position whose budget has the key, None iff no budget has it |
| BudgetsRoute.AfterPost | src/app/api/budgets/route.ts:28-72 | An incomplete body leaves the collection as it was; otherwise the collection grows by at most one budget and holds a budget with the posted key and amount |
| BudgetsRoute.PostReplyOf | src/app/api/budgets/route.ts:28-72 | 400 "Missing required fields" exactly for an incomplete body; "updated" exactly when a budget with that category, month and year is stored; otherwise the created budget has the posted key and amount |
| BudgetsRoute.BudgetOrderTotal | src/app/api/budgets/route.ts:10 | Year descending, then month string descending, is a total preorder |
| BudgetsRoute.ListingExact | src/app/api/budgets/route.ts:7-11 | GET lists every budget once, later year first, then later month string |
| BudgetsRoute.PostRejects | src/app/api/budgets/route.ts:28-33 | A body with a falsy field (amount 0 included) gets 400 and leaves the store unchanged |
| BudgetsRoute.PostUpdates | src/app/api/budgets/route.ts:44-55 | With the key present, only that budget's amount and update time change and the reply is `updated` |
| BudgetsRoute.PostCreates | src/app/api/budgets/route.ts:56-71 | With the key absent, exactly one budget with the posted fields and both times "now" is appended and returned |
| BudgetsRoute.PostKeepsTable | src/app/api/budgets/route.ts:38-71 | A POST keeps at most one budget per key and no zero amount, leaves budgets with other keys as they were, and leaves the key with exactly one budget holding the posted amount |
| BudgetsRoute.PostIdempotent | src/app/api/budgets/route.ts:38-71 | Posting the same body twice at one instant leaves the store as one post does |
| BudgetsRoute.BudgetStore.constructor | src/app/api/budgets/route.ts:7-11 | The store starts empty and well formed |
| BudgetsRoute.BudgetStore.Post | src/app/api/budgets/route.ts:23-72 | The class method changes the sequence as AfterPost says, replies as PostReplyOf says, and keeps the invariant |
| BudgetsRoute.BudgetStore.List | src/app/api/budgets/route.ts:4-13 | Returns a permutation of the store in listing order |
| TransactionsRoute.StoredCategory | src/app/api/transactions/route.ts:40 | The stored category is never empty; an empty category becomes "Other", any other value stays |
| TransactionsRoute.NewTransaction | src/app/api/transactions/route.ts:36-44 | The record carries the given amount, date, description and type, a non-empty category, and both times "now" |
| TransactionsRoute.PostReplyOf | src/app/api/transactions/route.ts:28-51 | The reply is 400 "Missing required fields" iff amount, date, description or type is falsy |
| TransactionsRoute.AfterPost | src/app/api/transactions/route.ts:36-51 | The stored records stay a prefix of the collection, which grows by exactly one record for a complete body and not at all otherwise |
| TransactionsRoute.PostExact | src/app/api/transactions/route.ts:28-51 | A complete body appends exactly the returned record; an incomplete one changes nothing. Existing records keep their places, and the store stays categorised |
| TransactionsRoute.ListingExact | src/app/api/transactions/route.ts:7-11 | GET lists every transaction once, newest date first |
| TransactionsRoute.TransactionStore.constructor | src/app/api/transactions/route.ts:7-11 | The store starts empty |
| TransactionsRoute.TransactionStore.Post | src/app/api/transactions/route.ts:23-51 | The class method appends as AfterPost says and replies as PostReplyOf says |
| TransactionsRoute.TransactionStore.List | src/app/api/transactions/route.ts:4-13 | Returns a permutation of the store, newest first |
| CategoryBreakdown.TotalAmountRemove | src/components/CategoryBreakdown.tsx:18 | Taking one row out lowers the total by that row's amount |
| CategoryBreakdown.TotalAmount | src/components/CategoryBreakdown.tsx:18 | For rows with non-negative amounts the total is non-negative and at least every single row's amount |
| CategoryBreakdown.TotalAmountPermutation | src/components/CategoryBreakdown.tsx:18 | The total over all rows does not depend on their order |
| CategoryBreakdown.AmountOrderTotal | src/components/CategoryBreakdown.tsx:42 | The descending amount order is a total preorder |
| CategoryBreakdown.Share | src/components/CategoryBreakdown.tsx:45 | share * total == amount * 100; with a zero total (no guard; NaN or Infinity in JavaScript) there is no share |
| CategoryBreakdown.CardOf | src/components/CategoryBreakdown.tsx:20-66 | The placeholder appears iff there are no rows. Otherwise min(5, n) rows are shown with their shares, and "And N more" appears iff n > 5, with N = n - 5 |
| CategoryBreakdown.CardShowsBiggest | src/components/CategoryBreakdown.tsx:41-44 | The shown rows are non-increasing and none left out is bigger than one shown |
| CategoryBreakdown.Render | src/components/CategoryBreakdown.tsx:18-66 | The caller's array is reordered in place as a permutation, sorted biggest first, with rows of equal amount in their input order; it ends as `SortBy` of the input. The card is built over it with the total over all rows, so which rows are shown, tied ones included, is fixed by the input |
| RecentTransactionsSummary.CardOfSorted | src/components/RecentTransactionsSummary.tsx:25-42 | The placeholder appears iff there are no transactions. Otherwise the first min(5, n) are shown, newest first, and none left out is newer than one shown |
| RecentTransactionsSummary.CardOf | src/components/RecentTransactionsSummary.tsx:25-42 | The message card exactly for no transactions; otherwise the first five, or all of them when fewer, in their order |
| RecentTransactionsSummary.Render | src/components/RecentTransactionsSummary.tsx:25-27 | The caller's array is sorted in place newest first, as a permutation, with transactions of the same date in their input order, and the card is that of `SortBy` over the input |
| BudgetVsActualChart.MonthName | src/components/BudgetVsActualChart.tsx:22-27 | A name exists iff the month text parses to 1..12 |
| BudgetVsActualChart.MonthNameOfPadTwo | src/components/BudgetVsActualChart.tsx:27 | A padded month 1..12 names its own month |
| BudgetVsActualChart.ItemOf | src/components/BudgetVsActualChart.tsx:75-95 | isOverBudget holds iff actual > budget > 0. The percentage is actual/budget*100 for budget > 0, else 0. "No budget set" appears iff budget <= 0; "Over budget by" appears iff over budget, with a positive actual - budget; otherwise "% of budget used" |
| BudgetVsActualChart.CardOf | src/components/BudgetVsActualChart.tsx:27-99 | The placeholder appears iff there are no rows, titled with the month name and year; otherwise one item per row |
| BudgetVsActualChart.ItemPercentageAgrees | src/components/BudgetVsActualChart.tsx:77 | The recomputed percentage equals the route's for a positive budget |
| BudgetVsActualChart.CardAgreesWithRoute | src/components/BudgetVsActualChart.tsx:75-95 | On the route's reply the card's percentage agrees with the route's for positive budgets, and appended rows read "No budget set" |
| SpendingInsightsComponent.ChangeFigure | src/components/SpendingInsightsComponent.tsx:19-23 | '+' appears iff change > 0, otherwise '-'. The magnitude is the absolute value of the change and the sign with the magnitude gives back the change |
| SpendingInsightsComponent.NoChangeShowsMinus | src/components/SpendingInsightsComponent.tsx:59 | A change of 0 shows as "-0" |
| SpendingInsightsComponent.OnTrackCount | src/components/SpendingInsightsComponent.tsx:24-25 | The on-track count never exceeds the total |
| SpendingInsightsComponent.OnTrackCountExact | src/components/SpendingInsightsComponent.tsx:24-25 | The count equals the total iff every entry is on track, and is 0 iff none is |
| SpendingInsightsComponent.ProgressWidth | src/components/SpendingInsightsComponent.tsx:107 | min(adherence, 100) |
| SpendingInsightsComponent.OverBy | src/components/SpendingInsightsComponent.tsx:131-135 | "Over by spent - budget" is shown iff adherence > 100 |
| SpendingInsightsComponent.FlagAgreesWithStatus | src/components/SpendingInsightsComponent.tsx:106-107 | For a positive budget the flag agrees with the route's status, the bar is full when over budget, and the over-by figure is positive |
| SpendingInsightsComponent.ZeroBudgetDisagrees | src/app/api/insights/route.ts:131-132 | For a budget of 0 with spending, the route says over-budget but the card flags nothing |
| BudgetForm.BlankFields | src/components/BudgetForm.tsx:20-25 | No category, no amount, and the current month and year |
| BudgetForm.Check | src/components/BudgetForm.tsx:30-52 | "Please fill in all required fields" appears iff category or amount is empty. "Please enter a valid amount" appears iff the amount is typed but not a positive number. Otherwise the body is sent with the parsed amount and the month padded to two digits |
| BudgetForm.BlankRefused | src/components/BudgetForm.tsx:30-33 | A blank form is refused for missing fields |
| BudgetForm.SentBodyAccepted | src/components/BudgetForm.tsx:47-52 | A body the form sends has a positive amount and passes the budgets route's presence check, so the route does not answer 400 |
| BudgetForm.SentMonthEncoding | src/components/BudgetForm.tsx:50 | A month 1..12 is sent as two characters that parse back to it. Between two bodies, the string order and equality of the months are the numeric ones |
| BudgetForm.YearOptions | src/components/BudgetForm.tsx:91-92 | Five options, currentYear + i - 2 |
| BudgetForm.YearOptionsExact | src/components/BudgetForm.tsx:92 | The options are exactly currentYear-2 .. currentYear+2, increasing |
| BudgetForm.State.constructor | src/components/BudgetForm.tsx:18-25 | The dialog starts closed and idle, with blank fields |
| BudgetForm.State.SetOpen | src/components/BudgetForm.tsx:95 | Only the open flag changes |
| BudgetForm.State.Edit | src/components/BudgetForm.tsx:20-25 | Only the fields change |
| BudgetForm.State.Submit | src/components/BudgetForm.tsx:27-74 | A refused form changes nothing and sends nothing. Otherwise the body is sent and the save ends not in flight. A successful save closes the dialog and resets the fields to the current month and year; a failed one keeps both |
| TransactionForm.Prefill | src/components/TransactionForm.tsx:30-40 | The edit prefill copies amount, date, description and type; a missing or empty category becomes "Other" |
| TransactionForm.Check | src/components/TransactionForm.tsx:45-63 | "Please fill in all required fields" appears iff amount, date or description is empty. "Please enter a valid amount" appears iff the amount is typed but not a positive number. Otherwise the record handed over is the parsed amount with the fields |
| TransactionForm.BlankRefused | src/components/TransactionForm.tsx:22-28 | A new form starts with "Other" and "expense", and is refused as blank |
| TransactionForm.SentRecordAccepted | src/components/TransactionForm.tsx:57-63 | A record the form hands over is appended by the transactions route with a positive amount and the form's category, "Other" when emptied |
| TransactionForm.PrefillRoundTrip | src/components/TransactionForm.tsx:30-63 | Submitting an unchanged prefill hands back the edited transaction's amount, date, description, type and category |
| TransactionForm.State.constructor | src/components/TransactionForm.tsx:20-40 | The dialog starts closed and idle, with the prefill when editing and blank fields when adding |
| TransactionForm.State.SetOpen | src/components/TransactionForm.tsx:20 | Only the open flag changes |
| TransactionForm.State.Edit | src/components/TransactionForm.tsx:22-28 | Only the fields change |
| TransactionForm.State.Submit | src/components/TransactionForm.tsx:42-81 | A refused form changes nothing. Otherwise the record is handed over and the save ends not in flight. A successful save closes the dialog and resets the fields only when adding; a failed one keeps the dialog and the fields |
| Dashboard.KindTotalAppend | src/app/page.tsx:98-104 | Appending a transaction adds its amount to its own type's total only |
| Dashboard.KindTotal | src/app/page.tsx:98-104 | The total of a type that no transaction has is 0 |
| Dashboard.NetBalance | src/app/page.tsx:170-173 | Without expenses the net balance is the income total; without incomes it is minus the expense total |
| Dashboard.KindTotalPermutation | src/app/page.tsx:98-104 | The totals do not depend on the order of the transactions |
| Dashboard.TotalsOfListing | src/app/page.tsx:98-104 | The totals over the route's newest-first listing are those over the store |
| Dashboard.TotalsSplit | src/app/page.tsx:98-104 | When every type is income or expense, the two totals add up to the sum of all amounts |
| Dashboard.NetAfterPost | src/app/page.tsx:170-173 | An accepted income raises the net balance by its amount and an expense lowers it; a refused POST leaves it unchanged |
| Dashboard.ViewOf | src/app/page.tsx:82-173 | The loading view wins over the error view, which wins over the dashboard. The dashboard shows the income and expense totals and their difference, green iff not negative |
| Dashboard.ToneAfterPost | src/app/page.tsx:170-173 | A new expense cannot turn a red balance green, and a new income cannot turn a green one red |
| Text.PadStart | src/components/BudgetForm.tsx:50 | The result keeps s at its end and fills the front with the fill character up to the width |
| Text.ParseInt | src/app/api/budget-vs-actual/route.ts:22-27 | Empty text, and text opening with neither white space, a digit nor a sign, give NaN; text opening with a digit and no `0x` prefix gives a non-negative number; a negative number needs a minus as the first character after the white space |
| Text.ParseIntSkipsWhiteSpace | src/app/api/budget-vs-actual/route.ts:26-27 | Leading white space (the ECMAScript white-space and line-terminator characters) does not change what `parseInt` reads |
| Text.ParseIntOfHex | src/app/api/budget-vs-actual/route.ts:26-27 | `0x` or `0X` followed by hexadecimal digits reads as that base-16 number |
| Text.SpacedMonthExample | src/components/BudgetVsActualChart.tsx:27 | The month text " 3" reads as 3 |
| Text.HexMonthExample | src/components/BudgetVsActualChart.tsx:27 | The month text "0x1" reads as 1 |
| Text.NaNExamples | src/app/api/budget-vs-actual/route.ts:26-27 | A bare `0x`, and a minus followed by white space, read as NaN |
| Text.ParseIntOfIntToString | src/app/api/charts/route.ts:38 | `parseInt` reads back `String(i)` |
| Text.ParseIntOfPadTwo | src/app/api/budget-vs-actual/route.ts:26 | A padded number 0..99 has two characters and parses back to itself |
| Text.PadTwoInjective | src/app/api/insights/route.ts:93 | Distinct numbers 0..99 pad to distinct strings |
| Text.PadTwoOrder | src/app/api/budgets/route.ts:10 | Padded months sort as strings the way they sort as numbers |
| Grouping.Filter | src/app/api/insights/route.ts:25-28 | Keeps exactly the elements that satisfy the predicate, drawn from the input |
| Grouping.FindGroup | src/app/api/budget-vs-actual/route.ts:52 | Finds a group iff one has the key, and returns a group with that key |
| Grouping.SumForIsFilteredTotal | src/app/api/budget-vs-actual/route.ts:42-45 | A key's sum and count are the total and the size of its records |
| Grouping.GroupsPartition | src/app/api/charts/route.ts:49-54 | The group sums add up to the total, and the group counts to the number of records |
| Grouping.GroupByGroups | src/app/api/insights/route.ts:73-79 | Group keys are distinct, every record's key has a group, and each group holds its key's sum and a positive count |
| Grouping.FindInGroupBy | src/app/api/insights/route.ts:125-126 | Looking a key up among the groups yields its sum, or nothing iff no record has the key |
| Grouping.KeysCount | src/app/api/insights/route.ts:35 | The number of groups is the number of distinct key values |
| Grouping.SortedGroupBy | src/app/api/insights/route.ts:73-82 | Sorted groups are ordered, one per distinct key, and grouped as before |
| Sorting.SortBy | src/app/api/transactions/route.ts:10 | The sort is a permutation of its input |
| Sorting.SortBySorted | src/app/api/transactions/route.ts:10 | Sorting by a total preorder yields an ordered sequence |
| Sorting.SortInPlace | src/components/CategoryBreakdown.tsx:41-42 | `array.sort` in place: the array ends ordered, as a permutation of itself, with every group of tied elements in its input order; it ends equal to `SortBy` of its old contents |
| Sorting.SwapKeepsTies | src/components/CategoryBreakdown.tsx:41-42 | Swapping two adjacent elements that are strictly out of order keeps every group of tied elements in order |
| Sorting.SortByStable | src/app/api/transactions/route.ts:10 | The functional sort keeps every group of tied elements in its input order |
| Sorting.StableSortUnique | src/components/CategoryBreakdown.tsx:41-42 | Two sorted sequences with the same tied groups in the same order are equal: a stable sort has one result |
| Sorting.StableSortIsSortBy | src/components/CategoryBreakdown.tsx:41-42 | Every sorted, stable reordering of a sequence is `SortBy` of it |
| Sorting.SortedSplit | src/components/RecentTransactionsSummary.tsx:25-27 | In a sorted sequence, everything before a cut comes before everything after it |

## Left out

- `src/lib/mongodb.ts` (connection caching), the sample-data route, and `BudgetDashboard.tsx` with the other charting and list components are not part of this model. They are I/O and rendering.
- The `/api/transactions/[id]` PUT and DELETE handlers are not part of this model; their source is not available.
- All JSX, toasts, currency and date formatting (`Intl.NumberFormat`, `toFixed`, `toLocaleDateString`) are left out. Their inputs are modelled (the figures, flags and labels), and their text is not.
- Floating point: amounts are exact `real`s, so double rounding in sums, percentages and averages is not modelled.
- Concurrency is left out. The model is sequential: it omits the check-then-write race in the budgets POST and the `Promise.all` fetches of the page.
- Time zones and `Invalid Date`: dates are calendar triples compared by calendar order. Their UTC parsing and local-time windows are not modelled. A query month or year that parses to NaN is taken to match nothing.
- The 500 replies of every route (database errors) are left out.
- `parseFloat`/`isNaN` of the form fields is abstracted as `NumberText` (empty, or text with an optional parsed value). The routes' bodies carry numbers already parsed, so a POSTed amount string that is truthy but parses to NaN or to 0 (the text "0") is not modelled.
- Tie order of `$sort` is not fixed by the database. The model uses one stable order (`SortBy`), and every contract holds for that order. `Array.prototype.sort` is stable since ECMAScript 2019, and `SortInPlace` proves that stability.
- The order of `$group` output is modelled as order of first appearance. The report contracts do not depend on it, except where a later sort fixes it.
- `$addToSet` returns the categories themselves; only their number (`categoriesUsed`) reaches the reply, and only that number is modelled.
- The page's fetch plumbing (`setError`, `loadData`, reloading after a save) is left out. `Dashboard.ViewOf` takes the loading flag, the error and the fetched transactions as inputs.
- Keystroke handlers of the forms are modelled as whole-field edits (`State.Edit`). The transaction form's prefill effect is folded into its constructor.
- BudgetVsActualRoute.Get: requires every stored budget amount to be nonzero, an assumption the source does not enforce. The route divides by the amount without a guard (src/app/api/budget-vs-actual/route.ts:58), so NaN and Infinity rows are not modelled. The assumption holds for numeric POST bodies, whose zero amount fails `!amount`, and for every body `BudgetForm` sends; a string amount "0" passes that test and is stored as `parseFloat("0")`, which is 0.
- BudgetVsActualRoute.Comparison: carries the same nonzero-amount requirement as `Get`, for the same reason.
- BudgetsRoute.Complete: tests the parsed amount against 0, where the source tests the raw JSON value (src/app/api/budgets/route.ts:28); the two differ only for a string amount such as "0", which the source accepts and the model refuses.
- InsightsRoute.Summarize: a category field holding an explicit null is not told apart from a missing one (both are `None`); `$addToSet` would count a stored null as one more category, and the model does not.
- BudgetVsActualRoute.MonthWindow: the window's end is calendar-inclusive. The source's end, `new Date(y, m, 0)` (src/app/api/budget-vs-actual/route.ts:27, and likewise src/app/api/insights/route.ts:19 and 43), is local midnight at the start of the month's last day, so `$lte` drops an expense on that last day stored at any later time of day. `BudgetVsActualRoute.MonthExpensesExact` and `InsightsRoute.MonthSpendingExact` keep it.
- Text.ParseInt: values are exact integers; the rounding of digit runs beyond 2^53 to the nearest double is not modelled.
- ChartsRoute.RecentExpenses: compares calendar dates only. The source's lower bound is "now" less twelve months, time of day included, so an expense stored at midnight on that boundary day is left out by the source (unless now is itself midnight) and kept by the model.
- RecentTransactionsSummary.Render: orders by calendar date; the source's `getTime` also orders by time of day, which the date triples do not carry.
