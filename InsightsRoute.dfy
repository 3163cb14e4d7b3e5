/** GET /api/insights: this month's and last month's expense totals, the
    month-over-month change, the five biggest categories of the month, and
    how this month's spending stands against each of this month's budgets.
    "Now" is a parameter. */
module InsightsRoute {
  import opened Records
  import opened Sorting
  import opened Calendar
  import opened Text
  import opened Grouping

  /** The expenses of the calendar month (year, month), by the route's window
      `[new Date(year, month - 1, 1), new Date(year, month, 0)]`. */
  function MonthSpending(txs: seq<Transaction>, year: int, month: int): seq<Transaction> {
    ExpensesBetween(txs, LocalDate(year, month - 1, 1), LocalDate(year, month, 0))
  }

  function CurrentMonth(now: Date, txs: seq<Transaction>): seq<Transaction> {
    MonthSpending(txs, now.year, now.month)
  }

  function LastMonth(now: Date, txs: seq<Transaction>): seq<Transaction>
    requires ValidDate(now)
  {
    var prev := PreviousMonth(now.year, now.month);
    MonthSpending(txs, prev.0, prev.1)
  }

  /** The single document of `$group: { _id: null, … }`, absent when nothing
      matched. */
  datatype Summary = Summary(total: real, count: nat, categories: nat)

  /** `categories: { $addToSet: '$category' }` leaves out records without a
      category, so only the present category values are counted. */
  function Summarize(ts: seq<Transaction>): Option<Summary> {
    if |ts| == 0 then None
    else Some(Summary(Total(ts), |ts|, |Keys(Filter(ts, HasCategory), Category)|))
  }

  predicate HasCategory(t: Transaction) {
    t.category.Some?
  }

  /** `summary[0]?.total || 0`. */
  function TotalOrZero(s: Option<Summary>): real {
    if s.None? || s.value.total == 0.0 then 0.0 else s.value.total
  }

  function CountOrZero(s: Option<Summary>): nat {
    if s.None? then 0 else s.value.count
  }

  function CategoriesOrZero(s: Option<Summary>): nat {
    if s.None? then 0 else s.value.categories
  }

  /** `$sort: { amount: -1 }`. */
  function ByAmountDesc(a: Group<CategoryKey>, b: Group<CategoryKey>): bool {
    a.amount >= b.amount
  }

  /** `$group` by category, `$sort: { amount: -1 }`, `$limit: 5`, then the
      renaming map. Ties may come out in any order; this is one of them. */
  function TopCategories(cur: seq<Transaction>): seq<TopCategory> {
    TopOf(SortBy(GroupBy(cur, Category), ByAmountDesc))
  }

  /** `$limit: 5` and the renaming map over groups already in order. */
  function TopOf(sorted: seq<Group<CategoryKey>>): seq<TopCategory> {
    var top := sorted[..Min(5, |sorted|)];
    seq(|top|, i requires 0 <= i < |top| => TopCategory(top[i].key, top[i].amount, top[i].count))
  }

  /** `find({ month: currentMonth.toString().padStart(2, '0'), year: currentYear })`. */
  function MonthBudgets(budgets: seq<Budget>, now: Date): seq<Budget> {
    Filter(budgets, (b: Budget) => b.month == PadTwo(now.month) && b.year == now.year)
  }

  /** One entry of `budgets.map(...)` against the month's per-category spending. */
  function AdherenceOf(b: Budget, spending: seq<Group<CategoryKey>>): Adherence {
    var found := FindGroup(spending, Some(b.category));
    var spent := if found.Some? then found.value.amount else 0.0;
    Adherence(
      b.category, b.amount, spent,
      if b.amount > 0.0 then spent / b.amount * 100.0 else 0.0,
      if spent <= b.amount then OnTrack else OverBudget)
  }

  function BudgetAdherence(budgets: seq<Budget>, now: Date, cur: seq<Transaction>): seq<Adherence> {
    var bs := MonthBudgets(budgets, now);
    if |bs| > 0 then
      var spending := GroupBy(cur, Category);
      seq(|bs|, i requires 0 <= i < |bs| => AdherenceOf(bs[i], spending))
    else []
  }

  /** `lastTotal > 0 ? ((currentTotal - lastTotal) / lastTotal) * 100 : 0`. */
  function MonthOverMonth(current: real, last: real): real {
    if last > 0.0 then (current - last) / last * 100.0 else 0.0
  }

  /** `currentTotal > 0 && count > 0 ? currentTotal / count : 0`. */
  function Average(total: real, count: nat): real {
    if total > 0.0 && count > 0 then total / count as real else 0.0
  }

  /** The reply body at instant `now`: this month's expense total and count,
      at most five top categories and one adherence entry per budget of the
      month. InsightsTotals, TopCategoriesExact and AdherenceExact state the
      rest of what its fields hold. */
  function Insights(now: Date, txs: seq<Transaction>, budgets: seq<Budget>): (r: SpendingInsights)
    requires ValidDate(now)
    ensures r.currentMonthSpending == Total(CurrentMonth(now, txs))
    ensures r.transactionCount == |CurrentMonth(now, txs)|
    ensures |r.topCategories| <= 5
    ensures |r.budgetAdherence| == |MonthBudgets(budgets, now)|
  {
    SummaryDefaults(CurrentMonth(now, txs));
    var cur := CurrentMonth(now, txs);
    var current := Summarize(cur);
    var last := Summarize(LastMonth(now, txs));
    var currentTotal := TotalOrZero(current);
    var lastTotal := TotalOrZero(last);
    SpendingInsights(
      currentTotal,
      lastTotal,
      MonthOverMonth(currentTotal, lastTotal),
      CountOrZero(current),
      CategoriesOrZero(current),
      TopCategories(cur),
      BudgetAdherence(budgets, now, cur),
      Average(currentTotal, CountOrZero(current)))
  }

  /** A month window of the route holds exactly the expenses dated in that
      calendar month (of the constructor's year, 1900 + y for a two-digit y). */
  lemma {:induction false} MonthSpendingExact(txs: seq<Transaction>, year: int, month: int, t: Transaction)
    requires 1 <= month <= 12 && ValidDate(t.date)
    ensures t in MonthSpending(txs, year, month) <==>
              t in txs && t.kind == Expense && t.date.year == FullYear(year) && t.date.month == month
  {
    MonthWindowExact(year, month, t.date);
    NormalizeMonthUnique(FullYear(year), month - 1, FullYear(year), month);
  }

  /** The current-month figures count this calendar month's expenses and the
      last-month figures those of the month before, December of the previous
      year in January. */
  lemma {:induction false} InsightsWindows(now: Date, txs: seq<Transaction>, t: Transaction)
    requires ValidDate(now) && ValidDate(t.date)
    ensures t in CurrentMonth(now, txs) <==>
              t in txs && t.kind == Expense && t.date.year == FullYear(now.year) && t.date.month == now.month
    ensures var prev := PreviousMonth(now.year, now.month);
            && prev == (if now.month == 1 then (now.year - 1, 12) else (now.year, now.month - 1))
            && (t in LastMonth(now, txs) <==>
                  t in txs && t.kind == Expense && t.date.year == FullYear(prev.0) && t.date.month == prev.1)
  {
    MonthSpendingExact(txs, now.year, now.month, t);
    var prev := PreviousMonth(now.year, now.month);
    MonthSpendingExact(txs, prev.0, prev.1, t);
  }

  /** The `_id: null` summary read with its `|| 0` defaults gives the total,
      the number of records and the number of distinct categories present
      (records without a category are not counted). */
  lemma {:induction false} SummaryDefaults(ts: seq<Transaction>)
    ensures TotalOrZero(Summarize(ts)) == Total(ts)
    ensures CountOrZero(Summarize(ts)) == |ts|
    ensures CategoriesOrZero(Summarize(ts)) ==
              |set i | 0 <= i < |ts| && ts[i].category.Some? :: ts[i].category|
  {
    var cats := set i | 0 <= i < |ts| && ts[i].category.Some? :: ts[i].category;
    if |ts| == 0 {
      assert cats == {};
    } else {
      var has: Transaction -> bool := HasCategory;
      var present := Filter(ts, has);
      var key: Transaction -> CategoryKey := Category;
      KeysCount(present, key);
      var viaKey := set i | 0 <= i < |present| :: key(present[i]);
      assert cats == viaKey by {
        forall k | k in viaKey ensures k in cats {
          var i :| 0 <= i < |present| && key(present[i]) == k;
          assert present[i] in ts && has(present[i]);
          var j :| 0 <= j < |ts| && ts[j] == present[i];
          assert ts[j].category == k;
        }
        forall k | k in cats ensures k in viaKey {
          var j :| 0 <= j < |ts| && ts[j].category.Some? && ts[j].category == k;
          assert has(ts[j]);
          assert ts[j] in present;
          var i :| 0 <= i < |present| && present[i] == ts[j];
          assert key(present[i]) == k;
        }
      }
    }
  }

  /** The totals are the sums of the month's expenses, 0 for a month without
      any; the count is the number of this month's expenses and the category
      count the number of distinct categories present among them; the change and
      the average are computed from those totals and that count (see
      MonthOverMonthInverse and AverageInverse for what they mean). */
  lemma {:induction false} InsightsTotals(now: Date, txs: seq<Transaction>, budgets: seq<Budget>)
    requires ValidDate(now)
    ensures var r := Insights(now, txs, budgets);
            var cur := CurrentMonth(now, txs);
            var last := LastMonth(now, txs);
            && r.currentMonthSpending == Total(cur)
            && r.lastMonthSpending == Total(last)
            && (|cur| == 0 ==> r.currentMonthSpending == 0.0)
            && (|last| == 0 ==> r.lastMonthSpending == 0.0)
            && r.transactionCount == |cur|
            && r.categoriesUsed == |set i | 0 <= i < |cur| && cur[i].category.Some? :: cur[i].category|
            && r.monthOverMonthChange == MonthOverMonth(Total(cur), Total(last))
            && r.averageTransactionAmount == Average(Total(cur), |cur|)
  {
    SummaryDefaults(CurrentMonth(now, txs));
    SummaryDefaults(LastMonth(now, txs));
  }

  /** The change inverts back to the totals: this month is last month scaled
      by the change whenever last month's total is positive; otherwise the
      change is 0. */
  lemma {:induction false} MonthOverMonthInverse(current: real, last: real)
    ensures last > 0.0 ==> current == last * (1.0 + MonthOverMonth(current, last) / 100.0)
    ensures last <= 0.0 ==> MonthOverMonth(current, last) == 0.0
  {
    if last > 0.0 {
      assert last * ((current - last) / last) == current - last;
    }
  }

  /** The average times the count is the total whenever both are positive;
      otherwise the average is 0. */
  lemma {:induction false} AverageInverse(total: real, count: nat)
    ensures total > 0.0 && count > 0 ==> Average(total, count) * count as real == total
    ensures total <= 0.0 || count == 0 ==> Average(total, count) == 0.0
  {
  }

  /** At most five categories, biggest first, each with the month's sum and
      count for it and no category twice; fewer than five only when the
      month has fewer categories. */
  lemma {:induction false} TopCategoriesExact(cur: seq<Transaction>)
    ensures var top := TopCategories(cur);
            && |top| == Min(5, |Keys(cur, Category)|)
            && (forall i, j :: 0 <= i < j < |top| ==> top[i].amount >= top[j].amount)
            && (forall i :: 0 <= i < |top| ==>
                  && top[i].amount == SumFor(cur, Category, top[i].category)
                  && top[i].transactionCount == CountFor(cur, Category, top[i].category)
                  && top[i].transactionCount > 0)
            && (forall i, j :: 0 <= i < j < |top| ==> top[i].category != top[j].category)
  {
    var sorted := SortBy(GroupBy(cur, Category), ByAmountDesc);
    SortedGroupBy(cur, Category, ByAmountDesc);
    TopOfExact(sorted, cur);
  }

  lemma {:induction false} TopOfExact(sorted: seq<Group<CategoryKey>>, cur: seq<Transaction>)
    requires SortedBy(sorted, ByAmountDesc) && Grouped(sorted, cur, Category)
    ensures var top := TopOf(sorted);
            && |top| == Min(5, |sorted|)
            && (forall i, j :: 0 <= i < j < |top| ==> top[i].amount >= top[j].amount)
            && (forall i :: 0 <= i < |top| ==>
                  && top[i].amount == SumFor(cur, Category, top[i].category)
                  && top[i].transactionCount == CountFor(cur, Category, top[i].category)
                  && top[i].transactionCount > 0)
            && (forall i, j :: 0 <= i < j < |top| ==> top[i].category != top[j].category)
  {
    var top := TopOf(sorted);
    assert forall i :: 0 <= i < |top| ==> top[i] == TopCategory(sorted[i].key, sorted[i].amount, sorted[i].count);
  }

  /** No category of the month that is left out of the top five outspends
      one that is listed. */
  lemma {:induction false} TopCategoriesDominate(cur: seq<Transaction>)
    ensures var top := TopCategories(cur);
            forall i :: 0 <= i < |cur| && (forall j :: 0 <= j < |top| ==> top[j].category != cur[i].category) ==>
              forall j :: 0 <= j < |top| ==> SumFor(cur, Category, cur[i].category) <= top[j].amount
  {
    var sorted := SortBy(GroupBy(cur, Category), ByAmountDesc);
    SortedGroupBy(cur, Category, ByAmountDesc);
    TopOfDominate(sorted, cur);
  }

  lemma {:induction false} TopOfDominate(sorted: seq<Group<CategoryKey>>, cur: seq<Transaction>)
    requires SortedBy(sorted, ByAmountDesc) && Grouped(sorted, cur, Category)
    ensures var top := TopOf(sorted);
            forall i :: 0 <= i < |cur| && (forall j :: 0 <= j < |top| ==> top[j].category != cur[i].category) ==>
              forall j :: 0 <= j < |top| ==> SumFor(cur, Category, cur[i].category) <= top[j].amount
  {
    var top := TopOf(sorted);
    assert forall i :: 0 <= i < |top| ==> top[i] == TopCategory(sorted[i].key, sorted[i].amount, sorted[i].count);
    forall i | 0 <= i < |cur| && (forall j :: 0 <= j < |top| ==> top[j].category != cur[i].category)
      ensures forall j :: 0 <= j < |top| ==> SumFor(cur, Category, cur[i].category) <= top[j].amount
    {
      var q :| 0 <= q < |sorted| && sorted[q].key == Category(cur[i]);
      if q < |top| {
        assert false;
      }
      forall j | 0 <= j < |top| ensures SumFor(cur, Category, cur[i].category) <= top[j].amount {
        assert ByAmountDesc(sorted[j], sorted[q]);
      }
    }
  }

  /** One entry per budget of the current padded month and year, in budget
      order: category and amount copied, the category's month spending (0
      without spending), the percentage used when the budget is positive and
      0 otherwise, and on-track exactly when the spending is within budget. */
  lemma {:induction false} AdherenceExact(now: Date, txs: seq<Transaction>, budgets: seq<Budget>)
    requires ValidDate(now)
    ensures var adh := Insights(now, txs, budgets).budgetAdherence;
            var bs := MonthBudgets(budgets, now);
            var cur := CurrentMonth(now, txs);
            && |adh| == |bs|
            && (forall i :: 0 <= i < |bs| ==>
                  && bs[i] in budgets && bs[i].month == PadTwo(now.month) && bs[i].year == now.year
                  && adh[i].category == bs[i].category
                  && adh[i].budget == bs[i].amount
                  && adh[i].spent == SumFor(cur, Category, Some(bs[i].category))
                  && adh[i].adherence == (if bs[i].amount > 0.0 then adh[i].spent / bs[i].amount * 100.0 else 0.0)
                  && (adh[i].status == OnTrack <==> adh[i].spent <= bs[i].amount)
                  && (adh[i].status == OverBudget <==> adh[i].spent > bs[i].amount))
            && (forall i :: 0 <= i < |budgets| && budgets[i].month == PadTwo(now.month) && budgets[i].year == now.year ==>
                  budgets[i] in bs)
  {
    var adh := Insights(now, txs, budgets).budgetAdherence;
    var bs := MonthBudgets(budgets, now);
    var cur := CurrentMonth(now, txs);
    forall i | 0 <= i < |bs| ensures adh[i].spent == SumFor(cur, Category, Some(bs[i].category)) {
      FindInGroupBy(cur, Category, Some(bs[i].category));
    }
  }
}
