/** GET /api/budget-vs-actual?month=MM&year=YYYY: the budgets set for one
    month joined with that month's expense totals per category. Budget rows
    come first, in the order of the stored budgets; then one row for each
    category that has spending but no budget. */
module BudgetVsActualRoute {
  import opened Records
  import opened Calendar
  import opened Text
  import opened Sorting
  import opened Grouping

  const MissingPeriod: string := "Month and year are required"

  /** `budgets.find({ month, year: parseInt(year) })`: the month is compared as
      the string sent, the year after parsing; a NaN year matches nothing. */
  predicate InPeriod(b: Budget, month: string, year: string) {
    b.month == month && ParseInt(year) == Some(b.year)
  }

  function PeriodBudgets(budgets: seq<Budget>, month: string, year: string): seq<Budget> {
    Filter(budgets, b => InPeriod(b, month, year))
  }

  /** `[new Date(y, m - 1, 1), new Date(y, m, 0)]` for the parsed month and
      year; None when either parses to NaN, whose Invalid Date bounds admit
      no stored date. */
  function MonthWindow(month: string, year: string): Option<(Date, Date)> {
    WindowOf(ParseInt(month), ParseInt(year))
  }

  /** The window of an already parsed month and year. */
  function WindowOf(m: Option<int>, y: Option<int>): Option<(Date, Date)> {
    if m.None? || y.None? then None
    else Some((LocalDate(y.value, m.value - 1, 1), LocalDate(y.value, m.value, 0)))
  }

  /** The `$match` stage: expenses dated inside the window, bounds included. */
  function MonthExpenses(txs: seq<Transaction>, month: string, year: string): seq<Transaction> {
    ExpensesIn(txs, MonthWindow(month, year))
  }

  function ExpensesIn(txs: seq<Transaction>, w: Option<(Date, Date)>): seq<Transaction> {
    if w.None? then [] else ExpensesBetween(txs, w.value.0, w.value.1)
  }

  /** The `$group` stage: the month's spending per stored category value. */
  function Actuals(txs: seq<Transaction>, month: string, year: string): seq<Group<CategoryKey>> {
    GroupBy(MonthExpenses(txs, month, year), Category)
  }

  /** The `budgets.map` row of one budget. */
  function BudgetRow(b: Budget, actuals: seq<Group<CategoryKey>>): BudgetVsActual
    requires b.amount != 0.0
  {
    var a := FindGroup(actuals, Some(b.category));
    var actual := if a.Some? then a.value.amount else 0.0;
    BudgetVsActual(
      Some(b.category), b.amount, actual, b.amount - actual,
      if a.Some? then a.value.amount / b.amount * 100.0 else 0.0)
  }

  function BudgetRows(bs: seq<Budget>, actuals: seq<Group<CategoryKey>>): (rows: seq<BudgetVsActual>)
    requires forall i :: 0 <= i < |bs| ==> bs[i].amount != 0.0
    ensures |rows| == |bs|
  {
    seq(|bs|, i requires 0 <= i < |bs| => BudgetRow(bs[i], actuals))
  }

  /** `budgets.find(budget => budget.category === k)` finds something. */
  predicate HasBudget(bs: seq<Budget>, k: CategoryKey) {
    exists i :: 0 <= i < |bs| && Some(bs[i].category) == k
  }

  /** The row pushed for spending without a budget. */
  function UnbudgetedRow(g: Group<CategoryKey>): BudgetVsActual {
    BudgetVsActual(g.key, 0.0, g.amount, -g.amount, 0.0)
  }

  /** The rows the `forEach` over the groups pushes, in group order. */
  function UnbudgetedRows(gs: seq<Group<CategoryKey>>, bs: seq<Budget>): seq<BudgetVsActual> {
    if |gs| == 0 then []
    else
      var g := gs[|gs| - 1];
      UnbudgetedRows(gs[..|gs| - 1], bs) + (if HasBudget(bs, g.key) then [] else [UnbudgetedRow(g)])
  }

  /** The whole reply body for a month and year that are both present. */
  function Comparison(month: string, year: string, budgets: seq<Budget>, txs: seq<Transaction>): (rows: seq<BudgetVsActual>)
    requires forall i :: 0 <= i < |budgets| ==> budgets[i].amount != 0.0
    ensures var pb := PeriodBudgets(budgets, month, year);
            && |rows| >= |pb|
            && forall i :: 0 <= i < |pb| ==> rows[i].category == Some(pb[i].category) && rows[i].budget == pb[i].amount
  {
    var pb := PeriodBudgets(budgets, month, year);
    var actuals := Actuals(txs, month, year);
    BudgetRows(pb, actuals) + UnbudgetedRows(actuals, pb)
  }

  /** The `actualSpending.forEach` loop: pushes onto `rows` the row of each
      group whose category has no budget. */
  method PushUnbudgeted(rows: seq<BudgetVsActual>, gs: seq<Group<CategoryKey>>, bs: seq<Budget>)
    returns (out: seq<BudgetVsActual>)
    ensures out == rows + UnbudgetedRows(gs, bs)
  {
    out := rows;
    var i := 0;
    while i < |gs|
      invariant 0 <= i <= |gs|
      invariant out == rows + UnbudgetedRows(gs[..i], bs)
    {
      var g := gs[i];
      assert gs[..i + 1][..i] == gs[..i];
      if !HasBudget(bs, g.key) {
        out := out + [UnbudgetedRow(g)];
      }
      i := i + 1;
    }
    assert gs[..i] == gs;
  }

  /** The handler. Every stored budget amount is nonzero, as the budget store
      keeps it: the route divides by the amount without a guard. A missing
      query parameter arrives as "" here. */
  method Get(month: string, year: string, budgets: seq<Budget>, txs: seq<Transaction>)
    returns (r: Reply<seq<BudgetVsActual>>)
    requires forall i :: 0 <= i < |budgets| ==> budgets[i].amount != 0.0
    ensures month == "" || year == "" ==> r == BadRequest(MissingPeriod)
    ensures month != "" && year != "" ==> r == Ok(Comparison(month, year, budgets, txs))
  {
    if month == "" || year == "" {
      return BadRequest(MissingPeriod);
    }
    var pb := PeriodBudgets(budgets, month, year);
    var actuals := Actuals(txs, month, year);
    var rows := BudgetRows(pb, actuals);
    rows := PushUnbudgeted(rows, actuals, pb);
    return Ok(rows);
  }

  /** Which expenses count: for a valid stored date, exactly the expenses of
      the calendar month that month index m - 1 of the constructor's year
      normalises to; for a plain month 1..12 of a year of three or more
      digits, that month itself. A month or year that parses to NaN admits
      none. */
  lemma {:induction false} MonthExpensesExact(txs: seq<Transaction>, month: string, year: string, t: Transaction)
    requires ValidDate(t.date)
    ensures t in MonthExpenses(txs, month, year) <==>
              && t in txs && t.kind == Expense
              && ParseInt(month).Some? && ParseInt(year).Some?
              && (t.date.year, t.date.month) == NormalizeMonth(FullYear(ParseInt(year).value), ParseInt(month).value - 1)
    ensures ParseInt(month).None? || ParseInt(year).None? ==> MonthExpenses(txs, month, year) == []
    ensures ParseInt(month).Some? && 1 <= ParseInt(month).value <= 12 &&
            ParseInt(year).Some? && !(0 <= ParseInt(year).value <= 99) ==>
              (t in MonthExpenses(txs, month, year) <==>
                 t in txs && t.kind == Expense &&
                 t.date.year == ParseInt(year).value && t.date.month == ParseInt(month).value)
  {
    WindowExpensesExact(txs, ParseInt(month), ParseInt(year), t);
  }

  /** MonthExpensesExact for a month and year already parsed. */
  lemma {:induction false} WindowExpensesExact(txs: seq<Transaction>, m: Option<int>, y: Option<int>, t: Transaction)
    requires ValidDate(t.date)
    ensures t in ExpensesIn(txs, WindowOf(m, y)) <==>
              && t in txs && t.kind == Expense && m.Some? && y.Some?
              && (t.date.year, t.date.month) == NormalizeMonth(FullYear(y.value), m.value - 1)
    ensures m.None? || y.None? ==> ExpensesIn(txs, WindowOf(m, y)) == []
    ensures m.Some? && 1 <= m.value <= 12 && y.Some? && !(0 <= y.value <= 99) ==>
              (t in ExpensesIn(txs, WindowOf(m, y)) <==>
                 t in txs && t.kind == Expense && t.date.year == y.value && t.date.month == m.value)
  {
    if m.Some? && y.Some? {
      MonthWindowExact(y.value, m.value, t.date);
      if 1 <= m.value <= 12 && !(0 <= y.value <= 99) {
        NormalizeMonthUnique(FullYear(y.value), m.value - 1, y.value, m.value);
      }
    }
  }

  /** The first rows are the period's budgets, in order: category and amount
      copied, the category's spending in the month (0 without spending) as
      the actual, and the share of the budget spent, which is 0 when the
      category has no expense in the month. */
  lemma {:induction false} BudgetRowsMatch(month: string, year: string, budgets: seq<Budget>, txs: seq<Transaction>)
    requires forall i :: 0 <= i < |budgets| ==> budgets[i].amount != 0.0
    ensures var rows := Comparison(month, year, budgets, txs);
            var pb := PeriodBudgets(budgets, month, year);
            var exp := MonthExpenses(txs, month, year);
            && |rows| >= |pb|
            && forall i :: 0 <= i < |pb| ==>
                 && rows[i].category == Some(pb[i].category)
                 && rows[i].budget == pb[i].amount
                 && rows[i].actual == SumFor(exp, Category, Some(pb[i].category))
                 && rows[i].difference == pb[i].amount - rows[i].actual
                 && rows[i].percentage ==
                      (if CountFor(exp, Category, Some(pb[i].category)) > 0
                       then rows[i].actual / pb[i].amount * 100.0 else 0.0)
  {
    var rows := Comparison(month, year, budgets, txs);
    var pb := PeriodBudgets(budgets, month, year);
    var exp := MonthExpenses(txs, month, year);
    forall i | 0 <= i < |pb|
      ensures rows[i] == BudgetRow(pb[i], Actuals(txs, month, year))
    {
    }
    forall i | 0 <= i < |pb|
      ensures rows[i].actual == SumFor(exp, Category, Some(pb[i].category))
      ensures rows[i].percentage ==
                (if CountFor(exp, Category, Some(pb[i].category)) > 0
                 then rows[i].actual / pb[i].amount * 100.0 else 0.0)
    {
      FindInGroupBy(exp, Category, Some(pb[i].category));
    }
  }

  /** Each appended row is the unbudgeted row of a group with no budget. */
  lemma {:induction false} UnbudgetedRowsFrom(gs: seq<Group<CategoryKey>>, bs: seq<Budget>)
    ensures forall j :: 0 <= j < |UnbudgetedRows(gs, bs)| ==>
              exists i :: 0 <= i < |gs| && !HasBudget(bs, gs[i].key) && UnbudgetedRows(gs, bs)[j] == UnbudgetedRow(gs[i])
  {
    if |gs| > 0 {
      var init := gs[..|gs| - 1];
      UnbudgetedRowsFrom(init, bs);
      var u0 := UnbudgetedRows(init, bs);
      var u := UnbudgetedRows(gs, bs);
      forall j | 0 <= j < |u|
        ensures exists i :: 0 <= i < |gs| && !HasBudget(bs, gs[i].key) && u[j] == UnbudgetedRow(gs[i])
      {
        assert u == u0 + (if HasBudget(bs, gs[|gs| - 1].key) then [] else [UnbudgetedRow(gs[|gs| - 1])]);
        if j < |u0| {
          var i :| 0 <= i < |init| && !HasBudget(bs, init[i].key) && u0[j] == UnbudgetedRow(init[i]);
          assert init[i] == gs[i] && u[j] == u0[j];
          assert !HasBudget(bs, gs[i].key) && u[j] == UnbudgetedRow(gs[i]);
        } else {
          assert !HasBudget(bs, gs[|gs| - 1].key);
          assert u[j] == UnbudgetedRow(gs[|gs| - 1]);
        }
      }
    } else {
      assert UnbudgetedRows(gs, bs) == [];
    }
  }

  /** Every group with no budget has its unbudgeted row appended. */
  lemma {:induction false} UnbudgetedRowsCover(gs: seq<Group<CategoryKey>>, bs: seq<Budget>)
    ensures forall i :: 0 <= i < |gs| && !HasBudget(bs, gs[i].key) ==> UnbudgetedRow(gs[i]) in UnbudgetedRows(gs, bs)
  {
    if |gs| > 0 {
      var init := gs[..|gs| - 1];
      UnbudgetedRowsCover(init, bs);
      assert forall i :: 0 <= i < |init| ==> init[i] == gs[i];
    }
  }

  /** Groups with distinct keys give appended rows with distinct categories. */
  lemma {:induction false} UnbudgetedRowsDistinct(gs: seq<Group<CategoryKey>>, bs: seq<Budget>)
    requires forall i, i' :: 0 <= i < i' < |gs| ==> gs[i].key != gs[i'].key
    ensures forall j, j' :: 0 <= j < j' < |UnbudgetedRows(gs, bs)| ==>
              UnbudgetedRows(gs, bs)[j].category != UnbudgetedRows(gs, bs)[j'].category
  {
    if |gs| > 0 {
      var init := gs[..|gs| - 1];
      UnbudgetedRowsDistinct(init, bs);
      UnbudgetedRowsFrom(init, bs);
      var u0 := UnbudgetedRows(init, bs);
      var u := UnbudgetedRows(gs, bs);
      forall j, j' | 0 <= j < j' < |u| ensures u[j].category != u[j'].category {
        assert u == u0 + (if HasBudget(bs, gs[|gs| - 1].key) then [] else [UnbudgetedRow(gs[|gs| - 1])]);
        assert u[j] == u0[j];
        if j' >= |u0| {
          var i :| 0 <= i < |init| && !HasBudget(bs, init[i].key) && u0[j] == UnbudgetedRow(init[i]);
          assert init[i] == gs[i];
          assert u[j].category == gs[i].key;
          assert u[j'].category == gs[|gs| - 1].key;
        } else {
          assert u[j'] == u0[j'];
        }
      }
    }
  }

  /** The rows appended after grouping some expenses by category: one per
      category with spending and no budget, each holding that category's sum. */
  lemma {:induction false} UnbudgetedOfGroups(exp: seq<Transaction>, bs: seq<Budget>)
    ensures var u := UnbudgetedRows(GroupBy(exp, Category), bs);
            && (forall j :: 0 <= j < |u| ==>
                  && u[j].budget == 0.0 && u[j].percentage == 0.0
                  && u[j].difference == -u[j].actual
                  && !HasBudget(bs, u[j].category)
                  && CountFor(exp, Category, u[j].category) > 0
                  && u[j].actual == SumFor(exp, Category, u[j].category))
            && (forall j, j' :: 0 <= j < j' < |u| ==> u[j].category != u[j'].category)
            && (forall i :: 0 <= i < |exp| && !HasBudget(bs, exp[i].category) ==>
                  exists j :: 0 <= j < |u| && u[j].category == exp[i].category)
  {
    var gs := GroupBy(exp, Category);
    var u := UnbudgetedRows(gs, bs);
    GroupByGroups(exp, Category);
    UnbudgetedRowsFrom(gs, bs);
    UnbudgetedRowsCover(gs, bs);
    UnbudgetedRowsDistinct(gs, bs);
    forall j | 0 <= j < |u|
      ensures && u[j].budget == 0.0 && u[j].percentage == 0.0
              && u[j].difference == -u[j].actual
              && !HasBudget(bs, u[j].category)
              && CountFor(exp, Category, u[j].category) > 0
              && u[j].actual == SumFor(exp, Category, u[j].category)
    {
      var i :| 0 <= i < |gs| && !HasBudget(bs, gs[i].key) && u[j] == UnbudgetedRow(gs[i]);
    }
    forall i | 0 <= i < |exp| && !HasBudget(bs, exp[i].category)
      ensures exists j :: 0 <= j < |u| && u[j].category == exp[i].category
    {
      var k :| 0 <= k < |gs| && gs[k].key == Category(exp[i]);
      assert UnbudgetedRow(gs[k]) in u;
    }
  }

  /** The appended rows: one per category that has spending in the month but
      no budget, with budget 0, difference -actual and percentage 0, and the
      category's month spending as the actual. */
  lemma {:induction false} UnbudgetedRowsMatch(month: string, year: string, budgets: seq<Budget>, txs: seq<Transaction>)
    requires forall i :: 0 <= i < |budgets| ==> budgets[i].amount != 0.0
    ensures var rows := Comparison(month, year, budgets, txs);
            var pb := PeriodBudgets(budgets, month, year);
            var exp := MonthExpenses(txs, month, year);
            && (forall j :: |pb| <= j < |rows| ==>
                  && rows[j].budget == 0.0 && rows[j].percentage == 0.0
                  && rows[j].difference == -rows[j].actual
                  && !HasBudget(pb, rows[j].category)
                  && CountFor(exp, Category, rows[j].category) > 0
                  && rows[j].actual == SumFor(exp, Category, rows[j].category))
            && (forall j, j' :: |pb| <= j < j' < |rows| ==> rows[j].category != rows[j'].category)
            && (forall i :: 0 <= i < |exp| && !HasBudget(pb, exp[i].category) ==>
                  exists j :: |pb| <= j < |rows| && rows[j].category == exp[i].category)
  {
    var pb := PeriodBudgets(budgets, month, year);
    var exp := MonthExpenses(txs, month, year);
    UnbudgetedRowsOfExpenses(Comparison(month, year, budgets, txs), pb, exp);
  }

  /** UnbudgetedRowsMatch for any budgets and month expenses: the appended
      rows of `BudgetRows(pb, gs) + UnbudgetedRows(gs, pb)` over the groups
      gs of exp. */
  lemma {:induction false} UnbudgetedRowsOfExpenses(rows: seq<BudgetVsActual>, pb: seq<Budget>, exp: seq<Transaction>)
    requires forall i :: 0 <= i < |pb| ==> pb[i].amount != 0.0
    requires rows == BudgetRows(pb, GroupBy(exp, Category)) + UnbudgetedRows(GroupBy(exp, Category), pb)
    ensures && (forall j :: |pb| <= j < |rows| ==>
                  && rows[j].budget == 0.0 && rows[j].percentage == 0.0
                  && rows[j].difference == -rows[j].actual
                  && !HasBudget(pb, rows[j].category)
                  && CountFor(exp, Category, rows[j].category) > 0
                  && rows[j].actual == SumFor(exp, Category, rows[j].category))
            && (forall j, j' :: |pb| <= j < j' < |rows| ==> rows[j].category != rows[j'].category)
            && (forall i :: 0 <= i < |exp| && !HasBudget(pb, exp[i].category) ==>
                  exists j :: |pb| <= j < |rows| && rows[j].category == exp[i].category)
  {
    var u := UnbudgetedRows(GroupBy(exp, Category), pb);
    UnbudgetedOfGroups(exp, pb);
    assert forall j :: |pb| <= j < |rows| ==> rows[j] == u[j - |pb|];
    forall i | 0 <= i < |exp| && !HasBudget(pb, exp[i].category)
      ensures exists j :: |pb| <= j < |rows| && rows[j].category == exp[i].category
    {
      var j :| 0 <= j < |u| && u[j].category == exp[i].category;
      assert rows[|pb| + j] == u[j];
    }
  }

  /** Every row, budgeted or not, has difference == budget - actual. */
  lemma {:induction false} RowsDifference(month: string, year: string, budgets: seq<Budget>, txs: seq<Transaction>)
    requires forall i :: 0 <= i < |budgets| ==> budgets[i].amount != 0.0
    ensures var rows := Comparison(month, year, budgets, txs);
            forall j :: 0 <= j < |rows| ==> rows[j].difference == rows[j].budget - rows[j].actual
  {
    BudgetRowsMatch(month, year, budgets, txs);
    UnbudgetedRowsMatch(month, year, budgets, txs);
  }

  /** Row categories for any rows shaped like the reply: n rows carrying the
      budgeted categories, then one row for each other spending category. */
  lemma {:induction false} RowCategories(rows: seq<BudgetVsActual>, n: nat, budgeted: set<CategoryKey>, spent: set<CategoryKey>)
    requires n <= |rows|
    requires budgeted == set i | 0 <= i < n :: rows[i].category
    requires forall j :: n <= j < |rows| ==> rows[j].category in spent && rows[j].category !in budgeted
    requires forall j, j' :: n <= j < j' < |rows| ==> rows[j].category != rows[j'].category
    requires forall k :: k in spent && k !in budgeted ==> exists j :: n <= j < |rows| && rows[j].category == k
    ensures (set j | 0 <= j < |rows| :: rows[j].category) == budgeted + spent
    ensures |rows| == n + |spent - budgeted|
  {
    RowCategoriesUnion(rows, n, budgeted, spent);
    RowCategoriesCount(rows, n, budgeted, spent);
  }

  lemma {:induction false} RowCategoriesUnion(rows: seq<BudgetVsActual>, n: nat, budgeted: set<CategoryKey>, spent: set<CategoryKey>)
    requires n <= |rows|
    requires budgeted == set i | 0 <= i < n :: rows[i].category
    requires forall j :: n <= j < |rows| ==> rows[j].category in spent
    requires forall k :: k in spent && k !in budgeted ==> exists j :: n <= j < |rows| && rows[j].category == k
    ensures (set j | 0 <= j < |rows| :: rows[j].category) == budgeted + spent
  {
    var cats := set j | 0 <= j < |rows| :: rows[j].category;
    forall k | k in cats ensures k in budgeted + spent {
      var j :| 0 <= j < |rows| && rows[j].category == k;
      if j < n {
        assert k in budgeted;
      }
    }
    forall k | k in budgeted + spent ensures k in cats {
      if k in budgeted {
        var i :| 0 <= i < n && rows[i].category == k;
      } else {
        var j :| n <= j < |rows| && rows[j].category == k;
      }
    }
  }

  lemma {:induction false} RowCategoriesCount(rows: seq<BudgetVsActual>, n: nat, budgeted: set<CategoryKey>, spent: set<CategoryKey>)
    requires n <= |rows|
    requires forall j :: n <= j < |rows| ==> rows[j].category in spent && rows[j].category !in budgeted
    requires forall j, j' :: n <= j < j' < |rows| ==> rows[j].category != rows[j'].category
    requires forall k :: k in spent && k !in budgeted ==> exists j :: n <= j < |rows| && rows[j].category == k
    ensures |rows| == n + |spent - budgeted|
  {
    var extra := seq(|rows| - n, j requires 0 <= j < |rows| - n => rows[n + j].category);
    assert Distinct(extra);
    DistinctCardinality(extra);
    forall k | k in spent - budgeted ensures k in extra {
      var j :| n <= j < |rows| && rows[j].category == k;
      assert extra[j - n] == k;
    }
    assert (set k | k in extra) == spent - budgeted;
  }

  /** A category has a budget exactly when it is among the budgets' categories. */
  lemma {:induction false} HasBudgetInSet(pb: seq<Budget>, k: CategoryKey)
    ensures HasBudget(pb, k) <==> k in (set i | 0 <= i < |pb| :: Some(pb[i].category))
  {
  }

  /** The reply's shape, as the two row lemmas describe it, fixes its categories. */
  lemma {:induction false} CategoriesOfShape(rows: seq<BudgetVsActual>, pb: seq<Budget>, exp: seq<Transaction>)
    requires |rows| >= |pb|
    requires forall i :: 0 <= i < |pb| ==> rows[i].category == Some(pb[i].category)
    requires forall j :: |pb| <= j < |rows| ==>
               !HasBudget(pb, rows[j].category) && CountFor(exp, Category, rows[j].category) > 0
    requires forall j, j' :: |pb| <= j < j' < |rows| ==> rows[j].category != rows[j'].category
    requires forall i :: 0 <= i < |exp| && !HasBudget(pb, exp[i].category) ==>
               exists j :: |pb| <= j < |rows| && rows[j].category == exp[i].category
    ensures var budgeted := set i | 0 <= i < |pb| :: Some(pb[i].category);
            var spent := set i | 0 <= i < |exp| :: exp[i].category;
            && (set j | 0 <= j < |rows| :: rows[j].category) == budgeted + spent
            && |rows| == |pb| + |spent - budgeted|
  {
    var budgeted := set i | 0 <= i < |pb| :: Some(pb[i].category);
    var spent := set i | 0 <= i < |exp| :: exp[i].category;
    BudgetedCategories(rows, pb, budgeted);
    ExtraRowsSpent(rows, pb, exp, budgeted, spent);
    SpentCategoriesHaveRows(rows, pb, exp, budgeted, spent);
    RowCategories(rows, |pb|, budgeted, spent);
  }

  lemma {:induction false} BudgetedCategories(rows: seq<BudgetVsActual>, pb: seq<Budget>, budgeted: set<CategoryKey>)
    requires |rows| >= |pb|
    requires forall i :: 0 <= i < |pb| ==> rows[i].category == Some(pb[i].category)
    requires budgeted == set i | 0 <= i < |pb| :: Some(pb[i].category)
    ensures budgeted == set i | 0 <= i < |pb| :: rows[i].category
  {
  }

  /** Each row after the budgeted ones is a spending category without a budget. */
  lemma {:induction false} ExtraRowsSpent(rows: seq<BudgetVsActual>, pb: seq<Budget>, exp: seq<Transaction>,
                       budgeted: set<CategoryKey>, spent: set<CategoryKey>)
    requires budgeted == set i | 0 <= i < |pb| :: Some(pb[i].category)
    requires spent == set i | 0 <= i < |exp| :: exp[i].category
    requires forall j :: |pb| <= j < |rows| ==>
               !HasBudget(pb, rows[j].category) && CountFor(exp, Category, rows[j].category) > 0
    ensures forall j :: |pb| <= j < |rows| ==> rows[j].category in spent && rows[j].category !in budgeted
  {
    forall j | |pb| <= j < |rows| ensures rows[j].category in spent && rows[j].category !in budgeted {
      var k := rows[j].category;
      CountPositiveWitness(exp, Category, k);
      HasBudgetInSet(pb, k);
    }
  }

  /** Each spending category without a budget has a row after the budgeted ones. */
  lemma {:induction false} SpentCategoriesHaveRows(rows: seq<BudgetVsActual>, pb: seq<Budget>, exp: seq<Transaction>,
                                budgeted: set<CategoryKey>, spent: set<CategoryKey>)
    requires budgeted == set i | 0 <= i < |pb| :: Some(pb[i].category)
    requires spent == set i | 0 <= i < |exp| :: exp[i].category
    requires forall i :: 0 <= i < |exp| && !HasBudget(pb, exp[i].category) ==>
               exists j :: |pb| <= j < |rows| && rows[j].category == exp[i].category
    ensures forall k :: k in spent && k !in budgeted ==> exists j :: |pb| <= j < |rows| && rows[j].category == k
  {
    forall k | k in spent && k !in budgeted ensures exists j :: |pb| <= j < |rows| && rows[j].category == k {
      var i :| 0 <= i < |exp| && exp[i].category == k;
      HasBudgetInSet(pb, k);
    }
  }

  /** The row categories are the union of the period's budget categories and
      the month's spending categories; there is one row per budget plus one
      per spending category that has no budget. */
  lemma {:induction false} ComparisonCategories(month: string, year: string, budgets: seq<Budget>, txs: seq<Transaction>)
    requires forall i :: 0 <= i < |budgets| ==> budgets[i].amount != 0.0
    ensures var rows := Comparison(month, year, budgets, txs);
            var pb := PeriodBudgets(budgets, month, year);
            var exp := MonthExpenses(txs, month, year);
            var budgeted := set i | 0 <= i < |pb| :: Some(pb[i].category);
            var spent := set i | 0 <= i < |exp| :: exp[i].category;
            && (set j | 0 <= j < |rows| :: rows[j].category) == budgeted + spent
            && |rows| == |pb| + |spent - budgeted|
  {
    BudgetRowsMatch(month, year, budgets, txs);
    UnbudgetedRowsMatch(month, year, budgets, txs);
    CategoriesOfShape(Comparison(month, year, budgets, txs), PeriodBudgets(budgets, month, year), MonthExpenses(txs, month, year));
  }
}
