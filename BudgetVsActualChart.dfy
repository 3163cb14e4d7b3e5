/** The budget-vs-actual card: per row, the over-budget flag, the locally
    recomputed percentage and the status line; the title's month name; and
    the empty-state message when there are no rows. */
module BudgetVsActualChart {
  import opened Records
  import opened Text
  import opened Grouping
  import opened BudgetVsActualRoute

  const MonthNames: seq<string> := [
    "January", "February", "March", "April", "May", "June",
    "July", "August", "September", "October", "November", "December"
  ]

  /** `monthNames[parseInt(month) - 1]`; None where that is undefined. */
  function MonthName(month: string): (name: Option<string>)
    ensures name.Some? <==> exists m :: 1 <= m <= 12 && ParseInt(month) == Some(m)
  {
    var m := ParseInt(month);
    if m.Some? && 1 <= m.value <= 12 then Some(MonthNames[m.value - 1]) else None
  }

  lemma {:induction false} MonthNameOfNumber(month: string, m: int)
    requires 1 <= m <= 12 && ParseInt(month) == Some(m)
    ensures MonthName(month) == Some(MonthNames[m - 1])
  {
  }

  /** The padded month the dashboard sends names its own month. */
  lemma {:induction false} MonthNameOfPadTwo(m: int)
    requires 1 <= m <= 12
    ensures MonthName(PadTwo(m)) == Some(MonthNames[m - 1])
  {
    ParseIntOfPadTwo(m);
    MonthNameOfNumber(PadTwo(m), m);
  }

  /** The status line: "No budget set", "Over budget by …" or "…% of budget used". */
  datatype Status = NoBudgetSet | OverBy(amount: real) | Used(percent: real)

  datatype Item = Item(category: CategoryKey, overBudget: bool, percentage: real, status: Status)

  /** One entry of `data.map(...)`. */
  function ItemOf(row: BudgetVsActual): (it: Item)
    ensures it.category == row.category
    ensures it.overBudget <==> row.actual > row.budget && row.budget > 0.0
    ensures row.budget > 0.0 ==> it.percentage * row.budget == row.actual * 100.0
    ensures row.budget <= 0.0 ==> it.percentage == 0.0
    ensures it.status.NoBudgetSet? <==> row.budget <= 0.0
    ensures it.status.OverBy? <==> it.overBudget
    ensures it.status.OverBy? ==> it.status.amount == row.actual - row.budget && it.status.amount > 0.0
    ensures it.status.Used? ==> it.status.percent == it.percentage && row.actual <= row.budget
  {
    var over := row.actual > row.budget && row.budget > 0.0;
    var percentage := if row.budget > 0.0 then row.actual / row.budget * 100.0 else 0.0;
    Item(row.category, over, percentage,
      if row.budget > 0.0 then (if over then OverBy(row.actual - row.budget) else Used(percentage))
      else NoBudgetSet)
  }

  /** The card: the empty-state message with the month's name and the year,
      or one item per row. */
  datatype Card = NoBudgetData(monthName: Option<string>, year: string)
                | Statuses(monthName: Option<string>, year: string, items: seq<Item>)

  function CardOf(data: seq<BudgetVsActual>, month: string, year: string): (c: Card)
    ensures c.NoBudgetData? <==> |data| == 0
    ensures c.monthName == MonthName(month) && c.year == year
    ensures c.Statuses? ==> |c.items| == |data| && forall i :: 0 <= i < |data| ==> c.items[i] == ItemOf(data[i])
  {
    if |data| == 0 then NoBudgetData(MonthName(month), year)
    else Statuses(MonthName(month), year, seq(|data|, i requires 0 <= i < |data| => ItemOf(data[i])))
  }

  /** A row whose percentage is `actual/budget*100` when its category has
      spending, and 0 with no spending, shows that same percentage. */
  lemma {:induction false} ItemPercentageAgrees(row: BudgetVsActual, spent: bool)
    requires row.budget > 0.0
    requires row.percentage == (if spent then row.actual / row.budget * 100.0 else 0.0)
    requires !spent ==> row.actual == 0.0
    ensures ItemOf(row).percentage == row.percentage
  {
  }

  /** On the rows of the budget-vs-actual reply the card's recomputed
      percentage agrees with the route's whenever the budget is positive,
      and the rows appended for unbudgeted spending read "No budget set". */
  lemma {:induction false} CardAgreesWithRoute(month: string, year: string, budgets: seq<Budget>, txs: seq<Transaction>, i: nat)
    requires forall j :: 0 <= j < |budgets| ==> budgets[j].amount != 0.0
    requires i < |Comparison(month, year, budgets, txs)|
    ensures var row := Comparison(month, year, budgets, txs)[i];
            && (row.budget > 0.0 ==> ItemOf(row).percentage == row.percentage)
            && (i >= |PeriodBudgets(budgets, month, year)| ==> ItemOf(row).status == NoBudgetSet)
  {
    var rows := Comparison(month, year, budgets, txs);
    var pb := PeriodBudgets(budgets, month, year);
    var exp := MonthExpenses(txs, month, year);
    var row := rows[i];
    if i < |pb| {
      BudgetRowsMatch(month, year, budgets, txs);
      var k := Some(pb[i].category);
      FindInGroupBy(exp, Category, k);
      assert row.budget == pb[i].amount && row.actual == SumFor(exp, Category, k);
      if row.budget > 0.0 {
        ItemPercentageAgrees(row, CountFor(exp, Category, k) > 0);
      }
    } else {
      UnbudgetedRowsMatch(month, year, budgets, txs);
      assert row.budget == 0.0;
    }
  }
}
